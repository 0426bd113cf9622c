/**
 * The cap on live pending invitations. It bounds every run exactly when no reissue
 * revives a link that a later clock had already seen dead.
 */
module OrgCap {
  import opened Basics
  import opened OrgAuthz
  import opened InvitationPolicy
  import opened OwnerInvariant
  import opened OrgTables
  import opened OrgRuns
  import opened OrgHistory

  /** The clock an operation decides with. */
  function Reading(req: Request): int {
    match req.op
    case Create(_, _, _, _, now) => now
    case Reissue(_, _, _, now) => now
    case Cancel(_, _, now) => now
    case Accept(_, _, now) => now
    case _ => req.at
  }

  /** The latest clock any of the requests decided with, and `start` at least. */
  function Latest(start: int, reqs: seq<Request>): int {
    if reqs == [] then start else Max(Latest(start, Front(reqs)), Reading(Last(reqs)))
  }

  ghost predicate WithinCap(env: Env, t: Tables, from: int) {
    forall now :: from <= now ==> |t.LiveIds(now)| <= env.pendingCap
  }

  /**
   * A reissue that passes its guards on a row that its own clock still sees alive, though it is dead at
   * `latest`, for a link that would be alive there, while the cap is used up.
   */
  predicate RevivesOverCap(env: Env, t: Tables, op: Operation, latest: int) {
    && op.Reissue? && op.id < |t.invitations|
    && var row := t.invitations[op.id];
       && row.status.Pending?
       && op.now < row.expiresAt <= latest < ExpiryFrom(op.now, TtlHours(t.RoleCapabilities(row.roleId)))
       && t.IsActive(op.actor)
       && CanAssignRole(t.CapabilitiesOf(op.actor), false, IsOwnerRole(t.RoleCapabilities(row.roleId)))
       && |t.LiveIds(latest)| >= env.pendingCap
  }

  /** Later instants see no more live rows. */
  lemma LiveShrinks(t: Tables, now: int, later: int)
    requires now <= later
    ensures t.LiveIds(later) <= t.LiveIds(now)
    ensures |t.LiveIds(later)| <= |t.LiveIds(now)|
  {
    SubsetSize(t.LiveIds(later), t.LiveIds(now));
  }

  lemma WithinCapAt(env: Env, t: Tables, from: int)
    ensures WithinCap(env, t, from) <==> |t.LiveIds(from)| <= env.pendingCap
  {
    forall now | from <= now { LiveShrinks(t, from, now); }
  }

  /** What one update does to the live rows: only an insertion or a rotation can add one. */
  lemma PerformLive(w: Write, t: Tables, now: int)
    ensures var after := Perform(w, t).LiveIds(now);
            match w
            case Insert(row) =>
              after == t.LiveIds(now) + if row.status.Pending? && now < row.expiresAt then {|t.invitations|} else {}
            case Rotate(i, _, _, expiresAt) =>
              after == t.LiveIds(now) - {i}
                       + if i < |t.invitations| && t.invitations[i].status.Pending? && now < expiresAt then {i} else {}
            case _ => after <= t.LiveIds(now)
  {
  }

  lemma RotateCap(env: Env, t: Tables, i: InvId, hash: Hash, at: int, expiresAt: int, latest: int)
    requires |t.LiveIds(latest)| <= env.pendingCap
    requires i < |t.invitations| && t.invitations[i].status.Pending? && at < t.invitations[i].expiresAt
    ensures |Perform(Rotate(i, hash, at, expiresAt), t).LiveIds(Max(latest, at))| <= env.pendingCap <==>
            !(t.invitations[i].expiresAt <= latest < expiresAt && |t.LiveIds(latest)| >= env.pendingCap)
  {
    var now := Max(latest, at);
    var live := t.LiveIds(now);
    PerformLive(Rotate(i, hash, at, expiresAt), t, now);
    LiveShrinks(t, latest, now);
    assert i in live <==> now < t.invitations[i].expiresAt;
    if i in live {
      SubsetSize(Perform(Rotate(i, hash, at, expiresAt), t).LiveIds(now), live);
    } else {
      assert live - {i} == live;
    }
  }

  /** Would performing `w` at clock `at` revive a row that is dead at `latest`, over the cap? */
  predicate RotatesOverCap(env: Env, t: Tables, w: Write, latest: int) {
    && w.Rotate? && w.id < |t.invitations|
    && t.invitations[w.id].expiresAt <= latest < w.expiresAt
    && |t.LiveIds(latest)| >= env.pendingCap
  }

  lemma WriteCap(env: Env, t: Tables, w: Write, at: int, latest: int)
    requires |t.LiveIds(latest)| <= env.pendingCap
    requires w.Insert? ==> |t.LiveIds(at)| < env.pendingCap
    requires w.Rotate? ==> && w.id < |t.invitations| && t.invitations[w.id].status.Pending?
                           && w.at == at < t.invitations[w.id].expiresAt
    ensures |Perform(w, t).LiveIds(Max(latest, at))| <= env.pendingCap <==> !RotatesOverCap(env, t, w, latest)
  {
    var now := Max(latest, at);
    var after := Perform(w, t).LiveIds(now);
    PerformLive(w, t, now);
    LiveShrinks(t, latest, now);
    LiveShrinks(t, at, now);
    match w {
      case Insert(_) =>
        SubsetSize(after, t.LiveIds(now) + {|t.invitations|});
      case Rotate(i, hash, _, expiresAt) =>
        RotateCap(env, t, i, hash, at, expiresAt, latest);
      case _ =>
        SubsetSize(after, t.LiveIds(now));
    }
  }

  /** The guards of `Create` and `Reissue`, in terms of the update they lead to. */
  lemma GuardedWrite(env: Env, t: Tables, req: Request) returns (w: Write)
    ensures Apply(env, req.op, req.at, t).0.invitations == Perform(w, t).invitations
    ensures w.Insert? ==> |t.LiveIds(Reading(req))| < env.pendingCap
    ensures w.Rotate? ==> && w.id < |t.invitations| && t.invitations[w.id].status.Pending?
                          && w.at == Reading(req) < t.invitations[w.id].expiresAt
    ensures forall latest :: RevivesOverCap(env, t, req.op, latest) <==> RotatesOverCap(env, t, w, latest)
  {
    w := InvitationWrite(env, req.op, req.at, t);
    if req.op.Reissue? && Apply(env, req.op, req.at, t).1.Issued? {
      w := Rotate(req.op.id, req.op.hash, req.op.now, Apply(env, req.op, req.at, t).1.expiresAt);
    }
  }

  /** After one step the cap holds from the new latest clock on, unless the step revives over the cap. */
  lemma StepCap(env: Env, t: Tables, req: Request, latest: int)
    requires WithinCap(env, t, latest)
    ensures WithinCap(env, Apply(env, req.op, req.at, t).0, Max(latest, Reading(req))) <==>
            !RevivesOverCap(env, t, req.op, latest)
  {
    var t' := Apply(env, req.op, req.at, t).0;
    var now := Max(latest, Reading(req));
    var w := GuardedWrite(env, t, req);
    WithinCapAt(env, t, latest);
    WithinCapAt(env, t', now);
    WriteCap(env, t, w, Reading(req), latest);
    assert t'.LiveIds(now) == Perform(w, t).LiveIds(now);
  }

  /** Every state of a run respects the cap from the latest clock of its requests on. */
  ghost predicate CapAlong(env: Env, h: History, start: int) {
    forall k :: 0 <= k < |h.states| && k <= |h.reqs| ==> WithinCap(env, h.states[k], Latest(start, h.reqs[..k]))
  }

  ghost predicate NeverRevivesOverCap(env: Env, h: History, start: int) {
    forall k :: 0 <= k < |h.reqs| && k < |h.states| ==>
                  !RevivesOverCap(env, h.states[k], h.reqs[k].op, Latest(start, h.reqs[..k]))
  }

  lemma NextCap(env: Env, h: History, start: int, k: nat)
    requires IsHistory(env, h) && k < |h.reqs|
    requires WithinCap(env, h.states[k], Latest(start, h.reqs[..k]))
    ensures WithinCap(env, h.states[k + 1], Latest(start, h.reqs[..k + 1])) <==>
            !RevivesOverCap(env, h.states[k], h.reqs[k].op, Latest(start, h.reqs[..k]))
  {
    assert IsStep(env, h, k);
    assert Front(h.reqs[..k + 1]) == h.reqs[..k];
    StepCap(env, h.states[k], h.reqs[k], Latest(start, h.reqs[..k]));
  }

  lemma {:induction false} CapUpTo(env: Env, founder: UserId, h: History, start: int, k: nat)
    requires HistoryFrom(env, founder, h) && k <= |h.reqs|
    requires NeverRevivesOverCap(env, h, start)
    ensures WithinCap(env, h.states[k], Latest(start, h.reqs[..k]))
  {
    if k == 0 {
      WithinCapAt(env, h.states[0], Latest(start, h.reqs[..0]));
      assert h.states[0].LiveIds(Latest(start, h.reqs[..0])) == {};
    } else {
      CapUpTo(env, founder, h, start, k - 1);
      NextCap(env, h, start, k - 1);
    }
  }

  /** The cap holds along a run exactly when no step of it revives a dead link over the cap. */
  lemma CapExactly(env: Env, founder: UserId, h: History, start: int)
    requires HistoryFrom(env, founder, h)
    ensures CapAlong(env, h, start) <==> NeverRevivesOverCap(env, h, start)
  {
    if CapAlong(env, h, start) {
      forall k | 0 <= k < |h.reqs|
        ensures !RevivesOverCap(env, h.states[k], h.reqs[k].op, Latest(start, h.reqs[..k]))
      {
        NextCap(env, h, start, k);
      }
    }
    if NeverRevivesOverCap(env, h, start) {
      forall k | 0 <= k <= |h.reqs| { CapUpTo(env, founder, h, start, k); }
    }
  }

  /** When each request decides with a clock no earlier than those before it, the cap always holds. */
  lemma CapWithOrderedClocks(env: Env, founder: UserId, h: History, start: int)
    requires HistoryFrom(env, founder, h)
    requires forall k :: 0 <= k < |h.reqs| ==> Latest(start, h.reqs[..k]) <= Reading(h.reqs[k])
    ensures CapAlong(env, h, start)
  {
    CapExactly(env, founder, h, start);
  }

  // ── the condition a caller can check ─────────────────────────────────────

  /** Every request read its clock before it took the lock, and locks were taken in clock order. */
  ghost predicate ClockReadBeforeLock(reqs: seq<Request>) {
    && (forall k :: 0 <= k < |reqs| ==> Reading(reqs[k]) <= reqs[k].at)
    && (forall j, k :: 0 <= j < k < |reqs| ==> reqs[j].at <= reqs[k].at)
  }

  lemma {:induction false} LatestIsPast(reqs: seq<Request>, start: int, now: int)
    requires start <= now && forall r :: r in reqs ==> Reading(r) <= now
    ensures Latest(start, reqs) <= now
  {
    if reqs != [] {
      assert Last(reqs) in reqs && forall r :: r in Front(reqs) ==> r in reqs;
      LatestIsPast(Front(reqs), start, now);
    }
  }

  /** What a reissue could check once it holds the lock: the row is still alive. */
  predicate AliveUnderLock(t: Tables, req: Request) {
    req.op.Reissue? && req.op.id < |t.invitations| ==> req.at < t.invitations[req.op.id].expiresAt
  }

  /** If every reissued row is still alive by the clock under the lock, the cap holds along the whole run. */
  lemma CapIfAliveUnderLock(env: Env, founder: UserId, h: History, start: int)
    requires HistoryFrom(env, founder, h) && ClockReadBeforeLock(h.reqs)
    requires forall k :: 0 <= k < |h.reqs| ==> start <= h.reqs[k].at && AliveUnderLock(h.states[k], h.reqs[k])
    ensures CapAlong(env, h, start)
  {
    forall k | 0 <= k < |h.reqs|
      ensures !RevivesOverCap(env, h.states[k], h.reqs[k].op, Latest(start, h.reqs[..k]))
    {
      LatestIsPast(h.reqs[..k], start, h.reqs[k].at);
    }
    CapExactly(env, founder, h, start);
  }
}
