/** Who may come back after a removal, and where every ownership comes from. */
module OrgHistory {
  import opened Wrappers
  import opened OrgAuthz
  import opened InvitationPolicy
  import opened OwnerInvariant
  import opened OrgTables
  import opened OrgRuns

  /** A run of whole operations with every state it goes through and every result. */
  datatype History = History(reqs: seq<Request>, states: seq<Tables>, outcomes: seq<Outcome>)

  ghost predicate IsStep(env: Env, h: History, k: nat) {
    && k < |h.reqs| && k < |h.outcomes| && k + 1 < |h.states|
    && (h.states[k + 1], h.outcomes[k]) == Apply(env, h.reqs[k].op, h.reqs[k].at, h.states[k])
  }

  ghost predicate IsHistory(env: Env, h: History) {
    && |h.states| == |h.reqs| + 1
    && |h.outcomes| == |h.reqs|
    && forall k :: 0 <= k < |h.reqs| ==> IsStep(env, h, k)
  }

  ghost predicate HistoryFrom(env: Env, founder: UserId, h: History) {
    IsHistory(env, h) && NewOrg(h.states[0], founder)
  }

  lemma ExtendHistory(env: Env, g: History, req: Request) returns (h: History)
    requires IsHistory(env, g)
    ensures IsHistory(env, h) && h.reqs == g.reqs + [req]
    ensures |h.states| == |g.states| + 1 && h.states[..|g.states|] == g.states
    ensures Last(h.states) == Apply(env, req.op, req.at, Last(g.states)).0
  {
    var end := Apply(env, req.op, req.at, Last(g.states));
    h := History(g.reqs + [req], g.states + [end.0], g.outcomes + [end.1]);
    forall k | 0 <= k < |h.reqs|
      ensures IsStep(env, h, k)
    {
      assert k < |g.reqs| ==> IsStep(env, g, k);
    }
  }

  lemma {:induction false} BuildHistory(env: Env, t: Tables, reqs: seq<Request>) returns (h: History)
    ensures IsHistory(env, h) && h.reqs == reqs && h.states[0] == t
  {
    if reqs == [] {
      h := History([], [t], []);
    } else {
      var g := BuildHistory(env, t, Front(reqs));
      h := ExtendHistory(env, g, Last(reqs));
      assert h.states[0] == h.states[..|g.states|][0];
    }
  }

  /** In every history a state is what running the requests before it leaves. */
  lemma {:induction false} StateIsAfter(env: Env, h: History, k: nat)
    requires IsHistory(env, h) && k <= |h.reqs|
    ensures h.states[k] == After(env, h.states[0], h.reqs[..k])
  {
    if k > 0 {
      StateIsAfter(env, h, k - 1);
      assert IsStep(env, h, k - 1);
      AfterOneMore(env, h.states[0], h.reqs, k);
    }
  }

  lemma AfterOneMore(env: Env, t: Tables, reqs: seq<Request>, k: nat)
    requires 0 < k <= |reqs|
    ensures After(env, t, reqs[..k]) == Apply(env, reqs[k - 1].op, reqs[k - 1].at, After(env, t, reqs[..k - 1])).0
  {
    assert Front(reqs[..k]) == reqs[..k - 1] && Last(reqs[..k]) == reqs[k - 1];
  }

  /** Every list of requests has a history, and it ends where running them ends. */
  lemma HistoryExists(env: Env, t: Tables, reqs: seq<Request>) returns (h: History)
    ensures IsHistory(env, h) && h.reqs == reqs && h.states[0] == t
    ensures forall k :: 0 <= k <= |h.reqs| ==> h.states[k] == After(env, t, reqs[..k])
  {
    h := BuildHistory(env, t, reqs);
    forall k | 0 <= k <= |h.reqs|
      ensures h.states[k] == After(env, t, reqs[..k])
    {
      StateIsAfter(env, h, k);
    }
  }

  /** One step of a run: whatever a lemma about `Apply` says of it, in terms of the history. */
  lemma NextKeepsRows(env: Env, h: History, k: nat)
    requires IsHistory(env, h) && k < |h.reqs|
    ensures RowsKept(h.states[k], h.states[k + 1])
    ensures h.states[k + 1].roles == h.states[k].roles
    ensures |h.states[k + 1].invitations| ==
            |h.states[k].invitations| + if h.reqs[k].op.Create? && h.outcomes[k].Issued? then 1 else 0
    ensures h.reqs[k].op.Create? && h.outcomes[k].Issued? ==>
              && h.outcomes[k].id == |h.states[k].invitations|
              && Last(h.states[k + 1].invitations).email == h.reqs[k].op.email
  {
    assert IsStep(env, h, k);
    StepKeepsRows(env, h.reqs[k].op, h.reqs[k].at, h.states[k]);
    var w := InvitationWrite(env, h.reqs[k].op, h.reqs[k].at, h.states[k]);
  }

  lemma {:induction false} RowsKeptAlong(env: Env, h: History, j: nat, k: nat)
    requires IsHistory(env, h) && j <= k <= |h.reqs|
    ensures RowsKept(h.states[j], h.states[k])
    ensures h.states[k].roles == h.states[j].roles
  {
    if j < k {
      RowsKeptAlong(env, h, j, k - 1);
      NextKeepsRows(env, h, k - 1);
    }
  }

  /** Request `c` is the `Create` that added row `i`. */
  predicate Creates(h: History, c: nat, i: InvId) {
    && c < |h.reqs| && c < |h.outcomes| && c < |h.states|
    && h.reqs[c].op.Create?
    && h.outcomes[c].Issued?
    && h.outcomes[c].id == i == |h.states[c].invitations|
  }

  lemma {:induction false} CreatedBetween(env: Env, h: History, j: nat, k: nat, i: InvId) returns (c: nat)
    requires IsHistory(env, h) && j <= k <= |h.reqs|
    requires |h.states[j].invitations| <= i < |h.states[k].invitations|
    ensures j <= c < k && Creates(h, c, i)
    ensures h.states[k].invitations[i].email == h.reqs[c].op.email
  {
    NextKeepsRows(env, h, k - 1);
    if i < |h.states[k - 1].invitations| {
      c := CreatedBetween(env, h, j, k - 1, i);
    } else {
      c := k - 1;
    }
  }

  // ── coming back ──────────────────────────────────────────────────────────

  predicate Removes(op: Operation, u: UserId) {
    (op.RevokeMember? && op.target == u) || (op.Leave? && op.actor == u)
  }

  predicate RemovedIn(t: Tables, u: UserId, at: int) {
    u in t.members && t.members[u].status.Revoked? && t.members[u].revokedAt == Some(at)
  }

  lemma StepRemoves(env: Env, op: Operation, at: int, t: Tables, u: UserId)
    requires t.IsActive(u) && !Apply(env, op, at, t).0.IsActive(u)
    ensures Removes(op, u)
    ensures RemovedIn(Apply(env, op, at, t).0, u, at)
    ensures Apply(env, op, at, t).0.members[u].roleId == t.members[u].roleId
    ensures Apply(env, op, at, t).0.PendingIds(env.EmailOf(u)) == {}
  {
  }

  lemma StepLeavesInactiveAlone(env: Env, op: Operation, at: int, t: Tables, u: UserId)
    requires !t.IsActive(u) && !Apply(env, op, at, t).0.IsActive(u)
    ensures u in Apply(env, op, at, t).0.members <==> u in t.members
    ensures u in t.members ==> Apply(env, op, at, t).0.members[u] == t.members[u]
  {
  }

  lemma NextRemoves(env: Env, h: History, u: UserId, k: nat)
    requires IsHistory(env, h) && k < |h.reqs|
    requires h.states[k].IsActive(u) && !h.states[k + 1].IsActive(u)
    ensures Removes(h.reqs[k].op, u)
    ensures RemovedIn(h.states[k + 1], u, h.reqs[k].at)
    ensures h.states[k + 1].members[u].roleId == h.states[k].members[u].roleId
    ensures h.states[k + 1].PendingIds(env.EmailOf(u)) == {}
  {
    assert IsStep(env, h, k);
    StepRemoves(env, h.reqs[k].op, h.reqs[k].at, h.states[k], u);
  }

  lemma NextLeavesInactiveAlone(env: Env, h: History, u: UserId, k: nat)
    requires IsHistory(env, h) && k < |h.reqs|
    requires !h.states[k].IsActive(u) && !h.states[k + 1].IsActive(u)
    ensures u in h.states[k + 1].members <==> u in h.states[k].members
    ensures u in h.states[k].members ==> h.states[k + 1].members[u] == h.states[k].members[u]
  {
    assert IsStep(env, h, k);
    StepLeavesInactiveAlone(env, h.reqs[k].op, h.reqs[k].at, h.states[k], u);
  }

  lemma NextActivates(env: Env, h: History, u: UserId, k: nat)
    requires IsHistory(env, h) && k < |h.reqs|
    requires !h.states[k].IsActive(u) && h.states[k + 1].IsActive(u)
    ensures h.reqs[k].op.Accept? && h.reqs[k].op.actor == u && h.states[k].Lookup(h.reqs[k].op.hash).Some?
    ensures var t := h.states[k];
            var i := t.Lookup(h.reqs[k].op.hash).value;
            && t.PendingFor(i, env.EmailOf(u))
            && (u in t.members && t.members[u].status.Revoked? ==>
                  t.members[u].revokedAt.Some? && t.members[u].revokedAt.value < t.invitations[i].tokenIssuedAt)
  {
    assert IsStep(env, h, k);
    StepActivates(env, h.reqs[k].op, h.reqs[k].at, h.states[k], u);
  }

  /** `r` is the request that removed `u`, who has been out ever since, up to `k`. */
  predicate RemovedSince(h: History, u: UserId, r: nat, k: nat) {
    && r < k < |h.states|
    && h.states[r].IsActive(u)
    && forall j :: r < j <= k ==> !h.states[j].IsActive(u)
  }

  lemma {:induction false} RemovedRow(env: Env, h: History, u: UserId, r: nat, k: nat)
    requires IsHistory(env, h) && RemovedSince(h, u, r, k)
    ensures Removes(h.reqs[r].op, u)
    ensures RemovedIn(h.states[k], u, h.reqs[r].at)
    ensures h.states[k].members[u].roleId == h.states[r].members[u].roleId
  {
    if k == r + 1 {
      NextRemoves(env, h, u, r);
    } else {
      RemovedRow(env, h, u, r, k - 1);
      NextLeavesInactiveAlone(env, h, u, k - 1);
    }
  }

  /** Every invitation for the removed person's e-mail that is pending now is younger than the removal. */
  lemma PendingIsYounger(env: Env, h: History, u: UserId, r: nat, k: nat, i: InvId)
    requires IsHistory(env, h) && RemovedSince(h, u, r, k)
    requires h.states[k].PendingFor(i, env.EmailOf(u))
    ensures |h.states[r + 1].invitations| <= i
  {
    NextRemoves(env, h, u, r);
    RowsKeptAlong(env, h, r + 1, k);
    assert i !in h.states[r + 1].PendingIds(env.EmailOf(u));
  }

  /** A member who is not active, in an organization that started with its founder, was removed by some request. */
  lemma {:induction false} RevokedWasRemoved(env: Env, founder: UserId, h: History, u: UserId, k: nat) returns (r: nat)
    requires HistoryFrom(env, founder, h) && k <= |h.reqs|
    requires u in h.states[k].members && !h.states[k].IsActive(u)
    ensures RemovedSince(h, u, r, k)
  {
    if h.states[k - 1].IsActive(u) {
      r := k - 1;
    } else {
      NextLeavesInactiveAlone(env, h, u, k - 1);
      r := RevokedWasRemoved(env, founder, h, u, k - 1);
    }
  }

  /**
   * Whoever was removed and is active again came back by accepting an invitation for
   * their own e-mail that somebody created after the removal, with a link issued later.
   */
  lemma ComingBack(env: Env, founder: UserId, h: History, u: UserId, k: nat) returns (r: nat, c: nat, i: InvId)
    requires HistoryFrom(env, founder, h) && k < |h.reqs|
    requires u in h.states[k].members && !h.states[k].IsActive(u) && h.states[k + 1].IsActive(u)
    ensures h.reqs[k].op.Accept? && h.reqs[k].op.actor == u
    ensures h.states[k].Lookup(h.reqs[k].op.hash) == Some(i) && h.states[k].PendingFor(i, env.EmailOf(u))
    ensures RemovedSince(h, u, r, k) && Removes(h.reqs[r].op, u)
    ensures h.states[k].members[u].revokedAt == Some(h.reqs[r].at)
    ensures h.reqs[r].at < h.states[k].invitations[i].tokenIssuedAt
    ensures r < c < k && Creates(h, c, i) && Some(h.reqs[c].op.email) == env.EmailOf(u)
  {
    NextActivates(env, h, u, k);
    i := h.states[k].Lookup(h.reqs[k].op.hash).value;
    r := RevokedWasRemoved(env, founder, h, u, k);
    RemovedRow(env, h, u, r, k);
    PendingIsYounger(env, h, u, r, k, i);
    c := CreatedBetween(env, h, r + 1, k, i);
  }

  // ── where ownership comes from ───────────────────────────────────────────

  /** Why somebody is an Owner: the founder, promoted by an Owner, or invited by one. */
  datatype Source =
    | Founding
    | Promotion(step: nat, giver: UserId, giverSource: Source)
    | ByInvitation(step: nat, issued: nat, giver: UserId, giverSource: Source)

  /** Request `q` handed out the link that row `i` carries in state `k`, on behalf of `giver`. */
  predicate IssuesLink(h: History, q: nat, i: InvId, giver: UserId, k: nat) {
    && q < k < |h.states| && q < |h.reqs| && q < |h.outcomes|
    && (h.reqs[q].op.Reissue? || h.reqs[q].op.Create?)
    && h.reqs[q].op.actor == giver
    && h.outcomes[q].Issued? && h.outcomes[q].id == i < |h.states[k].invitations|
    && h.reqs[q].op.hash == h.states[k].invitations[i].hash
  }

  predicate OwnerThroughout(h: History, u: UserId, from: nat, k: nat) {
    from <= k < |h.states| && forall j :: from <= j <= k ==> h.states[j].IsActiveOwner(u)
  }

  /** `u` has been an active Owner from the cause named by `source` until `k`; so was every giver. */
  predicate Traced(founder: UserId, h: History, k: nat, u: UserId, source: Source)
    decreases source
  {
    match source
    case Founding =>
      u == founder && OwnerThroughout(h, u, 0, k)
    case Promotion(s, giver, from) =>
      && s < |h.reqs| && s < |h.states|
      && h.reqs[s].op.UpdateRole? && h.reqs[s].op.actor == giver && h.reqs[s].op.target == u
      && h.states[s].IsActiveOwner(giver) && Traced(founder, h, s, giver, from)
      && OwnerThroughout(h, u, s + 1, k)
    case ByInvitation(s, q, giver, from) =>
      && q < s < |h.reqs| && s < |h.outcomes| && q < |h.states|
      && h.reqs[s].op.Accept? && h.reqs[s].op.actor == u && h.outcomes[s].Joined?
      && IssuesLink(h, q, h.outcomes[s].id, giver, s)
      && h.states[q].IsActiveOwner(giver) && Traced(founder, h, q, giver, from)
      && OwnerThroughout(h, u, s + 1, k)
  }

  lemma UpdateRoleGrants(t: Tables, op: Operation, u: UserId)
    requires op.UpdateRole? && !t.IsActiveOwner(u) && ApplyUpdateRole(t, op).0.IsActiveOwner(u)
    ensures op.target == u && t.IsActiveOwner(op.actor)
  {
  }

  lemma AcceptGrants(env: Env, t: Tables, op: Operation, u: UserId)
    requires op.Accept? && !t.IsActiveOwner(u) && ApplyAccept(env, t, op).0.IsActiveOwner(u)
    ensures var out := ApplyAccept(env, t, op).1;
            && op.actor == u && out.Joined? && out.id < |t.invitations|
            && IsOwnerRole(t.RoleCapabilities(t.invitations[out.id].roleId))
  {
  }

  /** Becoming an active Owner takes an active Owner's grant or an Owner invitation. */
  lemma StepGrants(env: Env, op: Operation, at: int, t: Tables, u: UserId)
    requires !t.IsActiveOwner(u) && Apply(env, op, at, t).0.IsActiveOwner(u)
    ensures || (op.UpdateRole? && op.target == u && t.IsActiveOwner(op.actor))
            || (op.Accept? && op.actor == u && Apply(env, op, at, t).1.Joined?
                && Apply(env, op, at, t).1.id < |t.invitations|
                && IsOwnerRole(t.RoleCapabilities(t.invitations[Apply(env, op, at, t).1.id].roleId)))
  {
    match op
    case UpdateRole(_, _, _) => UpdateRoleGrants(t, op, u);
    case Accept(_, _, _) => AcceptGrants(env, t, op, u);
    case _ =>
  }

  /** Request `q` issued a link for row `i`. */
  predicate Issues(h: History, q: nat, i: InvId) {
    && q < |h.reqs| && q < |h.outcomes| && q < |h.states|
    && (h.reqs[q].op.Create? || h.reqs[q].op.Reissue?)
    && h.outcomes[q].Issued? && h.outcomes[q].id == i
  }

  /** Issuing a link for an Owner role takes an active Owner. */
  lemma StepIssuer(env: Env, op: Operation, at: int, t: Tables)
    requires (op.Create? || op.Reissue?) && Apply(env, op, at, t).1.Issued?
    ensures var (t', out) := Apply(env, op, at, t);
            && out.id < |t'.invitations| && t'.invitations[out.id].hash == op.hash
            && (IsOwnerRole(t.RoleCapabilities(t'.invitations[out.id].roleId)) ==> t.IsActiveOwner(op.actor))
  {
  }

  /** No other operation changes a link. */
  lemma StepKeepsLink(env: Env, op: Operation, at: int, t: Tables, i: InvId)
    requires i < |Apply(env, op, at, t).0.invitations|
    requires !((op.Create? || op.Reissue?) && Apply(env, op, at, t).1.Issued? && Apply(env, op, at, t).1.id == i)
    ensures i < |t.invitations| && Apply(env, op, at, t).0.invitations[i].hash == t.invitations[i].hash
  {
    var w := InvitationWrite(env, op, at, t);
    if w.Insert? {
      IssuedIsLast(env, op, at, t);
    }
  }

  lemma IssuedIsLast(env: Env, op: Operation, at: int, t: Tables)
    requires op.Create? && Apply(env, op, at, t).1.Issued?
    ensures Apply(env, op, at, t).1.id == |t.invitations|
  {
  }

  lemma NextGrants(env: Env, h: History, k: nat, u: UserId)
    requires IsHistory(env, h) && k < |h.reqs|
    requires !h.states[k].IsActiveOwner(u) && h.states[k + 1].IsActiveOwner(u)
    ensures || (h.reqs[k].op.UpdateRole? && h.reqs[k].op.target == u && h.states[k].IsActiveOwner(h.reqs[k].op.actor))
            || (h.reqs[k].op.Accept? && h.reqs[k].op.actor == u && h.outcomes[k].Joined?
                && h.outcomes[k].id < |h.states[k].invitations|
                && InvitesOwner(h, k, h.outcomes[k].id))
  {
    assert IsStep(env, h, k);
    StepGrants(env, h.reqs[k].op, h.reqs[k].at, h.states[k], u);
  }

  predicate InvitesOwner(h: History, k: nat, i: InvId) {
    && k < |h.states| && i < |h.states[k].invitations|
    && IsOwnerRole(h.states[k].RoleCapabilities(h.states[k].invitations[i].roleId))
  }

  lemma NextIssues(env: Env, h: History, k: nat, i: InvId)
    requires IsHistory(env, h) && k < |h.reqs| && InvitesOwner(h, k + 1, i)
    ensures if Issues(h, k, i)
            then IssuesLink(h, k, i, h.reqs[k].op.actor, k + 1) && h.states[k].IsActiveOwner(h.reqs[k].op.actor)
            else InvitesOwner(h, k, i) && h.states[k + 1].invitations[i].hash == h.states[k].invitations[i].hash
  {
    NextKeepsRows(env, h, k);
    assert IsStep(env, h, k);
    if Issues(h, k, i) {
      StepIssuer(env, h.reqs[k].op, h.reqs[k].at, h.states[k]);
    } else {
      StepKeepsLink(env, h.reqs[k].op, h.reqs[k].at, h.states[k], i);
    }
  }

  lemma FoundingTraces(env: Env, founder: UserId, h: History, u: UserId) returns (source: Source)
    requires HistoryFrom(env, founder, h) && h.states[0].IsActiveOwner(u)
    ensures Traced(founder, h, 0, u, source)
  {
    source := Founding;
  }

  lemma StillTraced(founder: UserId, h: History, k: nat, u: UserId, source: Source)
    requires Traced(founder, h, k, u, source) && k + 1 < |h.states| && h.states[k + 1].IsActiveOwner(u)
    ensures Traced(founder, h, k + 1, u, source)
  {
  }

  lemma PromotionTraces(founder: UserId, h: History, k: nat, u: UserId, from: Source) returns (source: Source)
    requires k < |h.reqs| && k + 1 < |h.states| && h.reqs[k].op.UpdateRole? && h.reqs[k].op.target == u
    requires h.states[k].IsActiveOwner(h.reqs[k].op.actor) && Traced(founder, h, k, h.reqs[k].op.actor, from)
    requires h.states[k + 1].IsActiveOwner(u)
    ensures Traced(founder, h, k + 1, u, source)
  {
    source := Promotion(k, h.reqs[k].op.actor, from);
  }

  lemma InvitationTraces(founder: UserId, h: History, k: nat, u: UserId, q: nat, giver: UserId, from: Source)
    returns (source: Source)
    requires k < |h.reqs| && k < |h.outcomes| && k + 1 < |h.states|
    requires h.reqs[k].op.Accept? && h.reqs[k].op.actor == u && h.outcomes[k].Joined?
    requires IssuesLink(h, q, h.outcomes[k].id, giver, k)
    requires h.states[q].IsActiveOwner(giver) && Traced(founder, h, q, giver, from)
    requires h.states[k + 1].IsActiveOwner(u)
    ensures Traced(founder, h, k + 1, u, source)
  {
    source := ByInvitation(k, q, giver, from);
  }

  /** Every active Owner traces back to the founder through grants made by active Owners. */
  lemma {:induction false} OwnerHasSource(env: Env, founder: UserId, h: History, k: nat, u: UserId)
    returns (source: Source)
    requires HistoryFrom(env, founder, h) && k <= |h.reqs|
    requires h.states[k].IsActiveOwner(u)
    ensures Traced(founder, h, k, u, source)
    decreases k, 1
  {
    if k == 0 {
      source := FoundingTraces(env, founder, h, u);
    } else if h.states[k - 1].IsActiveOwner(u) {
      source := OwnerHasSource(env, founder, h, k - 1, u);
      StillTraced(founder, h, k - 1, u, source);
    } else {
      source := NewOwnerHasSource(env, founder, h, k - 1, u);
    }
  }

  lemma {:induction false} NewOwnerHasSource(env: Env, founder: UserId, h: History, k: nat, u: UserId)
    returns (source: Source)
    requires HistoryFrom(env, founder, h) && k < |h.reqs|
    requires !h.states[k].IsActiveOwner(u) && h.states[k + 1].IsActiveOwner(u)
    ensures Traced(founder, h, k + 1, u, source)
    decreases k + 1, 0
  {
    NextGrants(env, h, k, u);
    if h.reqs[k].op.UpdateRole? {
      var from := OwnerHasSource(env, founder, h, k, h.reqs[k].op.actor);
      source := PromotionTraces(founder, h, k, u, from);
    } else {
      var q, giver, from := LinkHasSource(env, founder, h, k, h.outcomes[k].id);
      source := InvitationTraces(founder, h, k, u, q, giver, from);
    }
  }

  /** The current link of an invitation to an Owner role was handed out by an Owner of that moment. */
  lemma {:induction false} LinkHasSource(env: Env, founder: UserId, h: History, k: nat, i: InvId)
    returns (q: nat, giver: UserId, source: Source)
    requires HistoryFrom(env, founder, h) && k <= |h.reqs| && InvitesOwner(h, k, i)
    ensures IssuesLink(h, q, i, giver, k) && h.states[q].IsActiveOwner(giver)
    ensures Traced(founder, h, q, giver, source)
    decreases k, 0
  {
    NextIssues(env, h, k - 1, i);
    if Issues(h, k - 1, i) {
      q, giver := k - 1, h.reqs[k - 1].op.actor;
      source := OwnerHasSource(env, founder, h, k - 1, giver);
    } else {
      q, giver, source := LinkHasSource(env, founder, h, k - 1, i);
    }
  }

  /** Whatever its status now, a membership with an Owner role was an active Owner once, and traces back from there. */
  lemma OwnerRowHasSource(env: Env, founder: UserId, h: History, k: nat, u: UserId) returns (j: nat, source: Source)
    requires HistoryFrom(env, founder, h) && k <= |h.reqs|
    requires u in h.states[k].members && IsOwnerRole(h.states[k].CapabilitiesOf(u))
    ensures j <= k && h.states[j].IsActiveOwner(u) && Traced(founder, h, j, u, source)
    ensures h.states[j].members[u].roleId == h.states[k].members[u].roleId
    ensures j < k ==> RemovedSince(h, u, j, k)
  {
    j := k;
    if !h.states[k].IsActive(u) {
      j := RevokedWasRemoved(env, founder, h, u, k);
      RemovedRow(env, h, u, j, k);
      RowsKeptAlong(env, h, j, k);
    }
    source := OwnerHasSource(env, founder, h, j, u);
  }

  /**
   * Every link an invitation to an Owner role ever had, the first and every later one, was issued by an active
   * Owner.
   */
  lemma EveryIssuerWasOwner(env: Env, founder: UserId, h: History, q: nat, k: nat, i: InvId) returns (source: Source)
    requires HistoryFrom(env, founder, h) && q < k <= |h.reqs| && InvitesOwner(h, k, i) && Issues(h, q, i)
    ensures h.states[q].IsActiveOwner(h.reqs[q].op.actor) && Traced(founder, h, q, h.reqs[q].op.actor, source)
  {
    assert IsStep(env, h, q);
    StepIssuer(env, h.reqs[q].op, h.reqs[q].at, h.states[q]);
    RowsKeptAlong(env, h, q + 1, k);
    RowsKeptAlong(env, h, q, q + 1);
    source := OwnerHasSource(env, founder, h, q, h.reqs[q].op.actor);
  }

  /** So every invitation to an Owner role was created by an active Owner. */
  lemma OwnerInvitationHasCreator(env: Env, founder: UserId, h: History, k: nat, i: InvId)
    returns (c: nat, source: Source)
    requires HistoryFrom(env, founder, h) && k <= |h.reqs| && InvitesOwner(h, k, i)
    ensures c < k && Creates(h, c, i)
    ensures h.states[c].IsActiveOwner(h.reqs[c].op.actor) && Traced(founder, h, c, h.reqs[c].op.actor, source)
  {
    c := CreatedBetween(env, h, 0, k, i);
    source := EveryIssuerWasOwner(env, founder, h, c, k, i);
  }
}
