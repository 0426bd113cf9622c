/**
 * The run that exceeds the cap, as an interleaving: any transaction that waits for a free lock
 * can be run to its end, and three of them in the right order leave one live link too many.
 */
module OrgStaleRun {
  import opened Basics
  import opened Wrappers
  import opened OrgAuthz
  import opened InvitationPolicy
  import opened OwnerInvariant
  import opened OrgTables
  import opened OrgRuns
  import opened OrgHistory
  import opened OrgCap
  import opened OrgScripts
  import opened OrgLock
  import opened OrgInterleaving
  import opened OrgClocks

  // ── playing events ───────────────────────────────────────────────────────

  /** The events happen one after the other, and the clock does not go back. */
  predicate Plays(svc: Service, s: System, es: seq<Event>)
    decreases es
  {
    es == [] ||
    (Enabled(svc, s, es[0]) && s.clock <= Do(svc, s, es[0]).clock && Plays(svc, Do(svc, s, es[0]), es[1..]))
  }

  function Play(svc: Service, s: System, es: seq<Event>): System
    requires Plays(svc, s, es)
    decreases es
  {
    if es == [] then s else Play(svc, Do(svc, s, es[0]), es[1..])
  }

  function States(svc: Service, s: System, es: seq<Event>): seq<System>
    requires Plays(svc, s, es)
    decreases es
  {
    [s] + if es == [] then [] else States(svc, Do(svc, s, es[0]), es[1..])
  }

  predicate Follows(svc: Service, ss: seq<System>, es: seq<Event>, k: nat) {
    && k < |es| && k + 1 < |ss|
    && Enabled(svc, ss[k], es[k]) && ss[k + 1] == Do(svc, ss[k], es[k]) && ss[k].clock <= ss[k + 1].clock
  }

  lemma {:induction false} StatesFollow(svc: Service, s: System, es: seq<Event>)
    requires Plays(svc, s, es)
    ensures var ss := States(svc, s, es);
            && |ss| == |es| + 1 && ss[0] == s && Last(ss) == Play(svc, s, es)
            && forall k :: 0 <= k < |es| ==> Follows(svc, ss, es, k)
    decreases es
  {
    if es != [] {
      var ss, rest := States(svc, s, es), States(svc, Do(svc, s, es[0]), es[1..]);
      StatesFollow(svc, Do(svc, s, es[0]), es[1..]);
      forall k | 0 <= k < |es|
        ensures Follows(svc, ss, es, k)
      {
        assert k > 0 ==> Follows(svc, rest, es[1..], k - 1);
      }
    }
  }

  /** Played from an initial state, the states are those of a run. */
  lemma StatesAreRun(svc: Service, s: System, es: seq<Event>)
    requires Plays(svc, s, es) && Initial(s)
    ensures var ss := States(svc, s, es);
            IsRun(svc, ss, es) && NeverGoesBack(ss) && ss[0] == s && Last(ss) == Play(svc, s, es)
  {
    var ss := States(svc, s, es);
    StatesFollow(svc, s, es);
    forall k | 0 <= k < |es|
      ensures Enabled(svc, ss[k], es[k]) && ss[k + 1] == Do(svc, ss[k], es[k])
    {
      assert Follows(svc, ss, es, k);
    }
    forall k | 0 < k < |ss|
      ensures ss[k - 1].clock <= ss[k].clock
    {
      assert Follows(svc, ss, es, k - 1);
    }
  }

  lemma {:induction false} PlayOn(svc: Service, s: System, es: seq<Event>, fs: seq<Event>)
    requires Plays(svc, s, es) && Plays(svc, Play(svc, s, es), fs)
    ensures Plays(svc, s, es + fs) && Play(svc, s, es + fs) == Play(svc, Play(svc, s, es), fs)
    decreases es
  {
    if es == [] {
      assert es + fs == fs;
    } else {
      PlayOn(svc, Do(svc, s, es[0]), es[1..], fs);
      assert (es + fs)[1..] == es[1..] + fs;
    }
  }

  // ── running one transaction to its end ───────────────────────────────────

  /** The end of a transaction whose remaining statements have the effect and result `end`. */
  function EndedWith(s: System, id: TxId, end: (Tables, Outcome)): System
    requires id in s.txs
  {
    var org := s.txs[id].org;
    SetPhase(s, id, Ended(s.clock, end.1)).(db := s.db[org := end.0], holder := s.holder - {org})
  }

  function RestOf(env: Env, s: System, id: TxId): (Tables, Outcome)
    requires IsRunning(s, id) && s.txs[id].org in s.db
  {
    var tx := s.txs[id];
    RunFrom(env, tx.op, s.clock, s.db[tx.org], tx.phase.snapshots, tx.phase.writes)
  }

  lemma StatementGoesOn(env: Env, s: System, id: TxId)
    requires IsRunning(s, id) && s.txs[id].phase.at == s.clock && s.txs[id].org in s.db
    requires !NextOf(ServiceOf(env), s, id).Finish?
    ensures var s' := RunStatement(ServiceOf(env), s, id);
            && IsRunning(s', id) && s'.txs[id].phase.at == s'.clock == s.clock && s'.txs[id].org in s'.db
            && |s'.txs[id].phase.snapshots| == |s.txs[id].phase.snapshots| + 1
            && EndedWith(s', id, RestOf(env, s', id)) == EndedWith(s, id, RestOf(env, s, id))
  {
    var s' := RunStatement(ServiceOf(env), s, id);
    assert RestOf(env, s', id) == RestOf(env, s, id);
    assert s'.txs[id := s.txs[id]] == s.txs;
  }

  lemma {:induction false} Finishes(env: Env, s: System, id: TxId) returns (es: seq<Event>)
    requires IsRunning(s, id) && s.txs[id].phase.at == s.clock && s.txs[id].org in s.db
    ensures Plays(ServiceOf(env), s, es)
    ensures Play(ServiceOf(env), s, es) == EndedWith(s, id, RestOf(env, s, id))
    decreases if |s.txs[id].phase.snapshots| < MAX_STATEMENTS then MAX_STATEMENTS - |s.txs[id].phase.snapshots| else 0
  {
    var svc := ServiceOf(env);
    var p := s.txs[id].phase;
    if NextOf(svc, s, id).Finish? {
      es := [End(id)];
      assert Do(svc, s, es[0]) == EndedWith(s, id, RestOf(env, s, id));
    } else {
      if |p.snapshots| >= MAX_STATEMENTS {
        ScriptsAreShort(env, s.txs[id].op, s.clock, p.snapshots);
      }
      StatementGoesOn(env, s, id);
      var rest := Finishes(env, RunStatement(svc, s, id), id);
      es := [Statement(id)] + rest;
      assert es[1..] == rest;
    }
  }

  /** The system after a waiting transaction has run whole with the present clock. */
  function Completed(env: Env, s: System, id: TxId): System
    requires CanLock(s, id)
  {
    var tx := s.txs[id];
    var (t, out) := Apply(env, tx.op, s.clock, s.db[tx.org]);
    SetPhase(s, id, Ended(s.clock, out)).(db := s.db[tx.org := t], log := s.log + [id])
  }

  /** Whoever waits for a free lock can run to the end. */
  lemma Completes(env: Env, s: System, id: TxId) returns (es: seq<Event>)
    requires CanLock(s, id)
    ensures Plays(ServiceOf(env), s, es) && Play(ServiceOf(env), s, es) == Completed(env, s, id)
  {
    var s' := TakeLock(s, id);
    var rest := Finishes(env, s', id);
    es := [Lock(id)] + rest;
    assert es[1..] == rest;
    ScriptRuns(env, s.txs[id].op, s.clock, s.db[s.txs[id].org]);
    assert s'.holder - {s.txs[id].org} == s.holder;
    assert s'.txs[id := s.txs[id]] == s.txs;
  }

  // ── one organization, one operation after the other ──────────────────────

  /** One organization, with nobody's lock taken. */
  predicate Idle(s: System, t: Tables, clock: int) {
    s.db == map[0 := t] && s.holder == map[] && s.clock == clock
  }

  predicate Waits(s: System, id: TxId, op: Operation) {
    id in s.txs && s.txs[id] == Transaction(0, op, Waiting)
  }

  lemma CompletesIdle(env: Env, s: System, id: TxId, op: Operation, t: Tables, clock: int) returns (es: seq<Event>)
    requires Idle(s, t, clock) && Waits(s, id, op)
    ensures Plays(ServiceOf(env), s, es)
    ensures var s' := Play(ServiceOf(env), s, es);
            && Idle(s', Apply(env, op, clock, t).0, clock)
            && s'.txs.Keys == s.txs.Keys
            && forall j :: j in s.txs && j != id ==> s'.txs[j] == s.txs[j]
  {
    es := Completes(env, s, id);
  }

  lemma BeginAt(env: Env, s: System, id: TxId, op: Operation, t: Tables, clock: int, at: int) returns (es: seq<Event>)
    requires Idle(s, t, clock) && clock <= at && id !in s.txs && CarriesClock(op, at)
    ensures Plays(ServiceOf(env), s, es)
    ensures var s' := Play(ServiceOf(env), s, es);
            Idle(s', t, at) && s'.txs == s.txs[id := Transaction(0, op, Waiting)]
  {
    var svc, tick, begin := ServiceOf(env), [Tick(at)], [Begin(id, 0, op)];
    var s1 := Do(svc, s, tick[0]);
    assert Play(svc, s, tick) == s1;
    assert Play(svc, s1, begin) == Do(svc, s1, begin[0]);
    PlayOn(svc, s, tick, begin);
    es := tick + begin;
  }

  /** An operation begins at clock `at` and runs whole. */
  lemma RunsAt(env: Env, s: System, id: TxId, op: Operation, t: Tables, clock: int, at: int) returns (es: seq<Event>)
    requires Idle(s, t, clock) && clock <= at && id !in s.txs && CarriesClock(op, at)
    ensures Plays(ServiceOf(env), s, es)
    ensures var s' := Play(ServiceOf(env), s, es);
            && Idle(s', Apply(env, op, at, t).0, at)
            && s'.txs.Keys == s.txs.Keys + {id}
            && forall j :: j in s.txs ==> s'.txs[j] == s.txs[j]
  {
    var begin := BeginAt(env, s, id, op, t, clock, at);
    var run := CompletesIdle(env, Play(ServiceOf(env), s, begin), id, op, t, at);
    PlayOn(ServiceOf(env), s, begin, run);
    es := begin + run;
  }

  // ── the rows ─────────────────────────────────────────────────────────────

  const DAY := TTL_HOURS_ELEVATED * HOUR_MS

  /** A founder with an account, and a cap that lets somebody be invited at all. */
  predicate CanInvite(env: Env, founder: UserId) {
    founder in env.users && env.pendingCap >= 1
  }

  /** An address of its own for each invitation, longer than the founder's. */
  function Invitee(env: Env, founder: UserId, i: nat): Email
    requires CanInvite(env, founder)
  {
    seq(|env.users[founder].email| + i + 1, _ => 'x') + "@shop.test"
  }

  const INTERVAL := 10 * 60 * 1000

  /** One invitation every ten minutes from 0 on, while the first one lives; the last when it has just died. */
  function InvitedAt(env: Env, i: nat): int {
    if i >= env.pendingCap then DAY
    else if i * INTERVAL < DAY then i * INTERVAL
    else DAY - 1
  }

  function Invite(env: Env, founder: UserId, i: nat): Operation
    requires CanInvite(env, founder)
  {
    Create(founder, Invitee(env, founder, i), 0, i, InvitedAt(env, i))
  }

  function InvitationRow(env: Env, founder: UserId, i: nat): Invitation
    requires CanInvite(env, founder)
  {
    var now := InvitedAt(env, i);
    Invitation(Invitee(env, founder, i), 0, Pending, i, now, now + DAY, founder, None, None, None, None)
  }

  /** A shop with its founder, and the first `n` invitations, all to its Owner role. */
  function Shop(env: Env, founder: UserId, n: nat): Tables
    requires CanInvite(env, founder)
  {
    Tables(map[0 := [FULL_ACCESS]], map[founder := Membership(0, Active, Some(0), None, None)],
           seq(n, i requires 0 <= i => InvitationRow(env, founder, i)))
  }

  /** The first `n` positions of the table. */
  function Below(n: nat): (ids: set<InvId>)
    ensures |ids| == n && forall i :: i in ids <==> 0 <= i < n
  {
    if n == 0 then {} else Below(n - 1) + {n - 1}
  }

  lemma InviteeIsNew(env: Env, founder: UserId, n: nat)
    requires CanInvite(env, founder)
    ensures var t, email := Shop(env, founder, n), Invitee(env, founder, n);
            !t.EmailIsMember(env, email) && t.PendingIds(Some(email)) == {}
  {
    var t, email := Shop(env, founder, n), Invitee(env, founder, n);
    assert |email| == |env.users[founder].email| + n + 11;
    forall i | 0 <= i < n ensures !t.PendingFor(i, Some(email)) {
      assert |t.invitations[i].email| == |env.users[founder].email| + i + 11;
    }
  }

  /** There is a place for the last invitation because the first link has just died. */
  lemma PlaceIsFree(env: Env, founder: UserId, n: nat)
    requires CanInvite(env, founder) && n <= env.pendingCap
    ensures |Shop(env, founder, n).LiveIds(InvitedAt(env, n))| < env.pendingCap
  {
    var live := Shop(env, founder, n).LiveIds(InvitedAt(env, n));
    SubsetSize(live, Below(n));
    if n == env.pendingCap {
      assert 0 in Below(n) && 0 !in live;
    }
  }

  lemma OwnerCreates(env: Env, t: Tables, op: Operation, at: int)
    requires op.Create? && t.IsActiveOwner(op.actor) && op.roleId in t.roles
    requires !t.EmailIsMember(env, op.email) && t.PendingIds(Some(op.email)) == {}
    requires |t.LiveIds(op.now)| < env.pendingCap
    ensures Apply(env, op, at, t).0 ==
            t.(invitations := t.invitations + [NewInvitation(t, op.actor, op.email, op.roleId, op.hash, op.now)])
  {
  }

  /** Before the cap is used up the next invitation can be created. */
  lemma InviteAdds(env: Env, founder: UserId, n: nat, at: int)
    requires CanInvite(env, founder) && n <= env.pendingCap
    ensures Apply(env, Invite(env, founder, n), at, Shop(env, founder, n)).0 == Shop(env, founder, n + 1)
  {
    var t, op := Shop(env, founder, n), Invite(env, founder, n);
    InviteeIsNew(env, founder, n);
    PlaceIsFree(env, founder, n);
    assert t.IsActiveOwner(founder);
    OwnerCreates(env, t, op, at);
    assert t.invitations + [NewInvitation(t, founder, op.email, 0, n, op.now)] == Shop(env, founder, n + 1).invitations;
  }

  /** The reissue of the first invitation, by a clock read a millisecond before it dies. */
  function StaleReissue(env: Env, founder: UserId): Operation {
    Reissue(founder, 0, env.pendingCap + 1, DAY - 1)
  }

  /** Once the free places are taken it revives the first link all the same. */
  lemma StaleReissueRevives(env: Env, founder: UserId, at: int)
    requires CanInvite(env, founder)
    ensures var t := Apply(env, StaleReissue(env, founder), at, Shop(env, founder, env.pendingCap + 1)).0;
            |t.LiveIds(DAY)| == env.pendingCap + 1
  {
    var n := env.pendingCap + 1;
    var t, op := Shop(env, founder, n), StaleReissue(env, founder);
    assert t.IsActiveOwner(founder);
    var t' := Apply(env, op, at, t).0;
    assert t' == Perform(Rotate(0, op.hash, op.now, op.now + DAY), t);
    assert t'.LiveIds(DAY) == Below(n);
  }

  // ── the run ──────────────────────────────────────────────────────────────

  function Start(env: Env, founder: UserId): System
    requires CanInvite(env, founder)
  {
    System(map[0 := Shop(env, founder, 0)], map[], map[], [], 0)
  }

  /** When the first `n` invitations have been made. */
  function InvitedUntil(env: Env, n: nat): int {
    if n == 0 then 0 else InvitedAt(env, n - 1)
  }

  lemma OwnerInvitesNext(env: Env, founder: UserId, s: System, n: nat, clock: int) returns (es: seq<Event>)
    requires CanInvite(env, founder) && n <= env.pendingCap && n !in s.txs
    requires Idle(s, Shop(env, founder, n), clock) && clock <= InvitedAt(env, n)
    ensures Plays(ServiceOf(env), s, es)
    ensures var s' := Play(ServiceOf(env), s, es);
            && Idle(s', Shop(env, founder, n + 1), InvitedAt(env, n))
            && s'.txs.Keys == s.txs.Keys + {n} && forall j :: j in s.txs ==> s'.txs[j] == s.txs[j]
  {
    es := RunsAt(env, s, n, Invite(env, founder, n), Shop(env, founder, n), clock, InvitedAt(env, n));
    InviteAdds(env, founder, n, InvitedAt(env, n));
  }

  /** The first `n` invitations have been made, by the transactions before `n`. */
  predicate HasInvited(env: Env, founder: UserId, s: System, n: nat)
    requires CanInvite(env, founder)
  {
    Idle(s, Shop(env, founder, n), InvitedUntil(env, n)) && forall id :: id in s.txs ==> id < n
  }

  lemma OneMoreInvited(env: Env, founder: UserId, before: seq<Event>, n: nat) returns (es: seq<Event>)
    requires CanInvite(env, founder) && n < env.pendingCap && Plays(ServiceOf(env), Start(env, founder), before)
    requires HasInvited(env, founder, Play(ServiceOf(env), Start(env, founder), before), n)
    ensures Plays(ServiceOf(env), Start(env, founder), es)
    ensures HasInvited(env, founder, Play(ServiceOf(env), Start(env, founder), es), n + 1)
  {
    var s := Play(ServiceOf(env), Start(env, founder), before);
    var next := OwnerInvitesNext(env, founder, s, n, InvitedUntil(env, n));
    PlayOn(ServiceOf(env), Start(env, founder), before, next);
    es := before + next;
  }

  /** The first `n` invitations are created, one after the other. */
  lemma {:induction false} OwnerInvites(env: Env, founder: UserId, n: nat) returns (es: seq<Event>)
    requires CanInvite(env, founder) && n <= env.pendingCap
    ensures Plays(ServiceOf(env), Start(env, founder), es)
    ensures HasInvited(env, founder, Play(ServiceOf(env), Start(env, founder), es), n)
  {
    if n == 0 {
      es := [];
    } else {
      es := OwnerInvites(env, founder, n - 1);
      es := OneMoreInvited(env, founder, es, n - 1);
    }
  }

  /** With one free place left and the first link about to die, somebody asks for a new link and has to wait. */
  lemma UntilReissueWaits(env: Env, founder: UserId) returns (es: seq<Event>)
    requires CanInvite(env, founder)
    ensures Plays(ServiceOf(env), Start(env, founder), es)
    ensures var s := Play(ServiceOf(env), Start(env, founder), es);
            && Idle(s, Shop(env, founder, env.pendingCap), DAY - 1)
            && Waits(s, env.pendingCap + 1, StaleReissue(env, founder)) && env.pendingCap !in s.txs
  {
    var svc, n := ServiceOf(env), env.pendingCap;
    var invited := OwnerInvites(env, founder, n);
    var s := Play(svc, Start(env, founder), invited);
    var stale := BeginAt(env, s, n + 1, StaleReissue(env, founder), Shop(env, founder, n),
                         InvitedUntil(env, n), DAY - 1);
    PlayOn(svc, Start(env, founder), invited, stale);
    es := invited + stale;
  }

  /** The link dies, another invitation takes its place, and the reissue gets the lock. */
  lemma UntilOver(env: Env, founder: UserId) returns (es: seq<Event>)
    requires CanInvite(env, founder)
    ensures Plays(ServiceOf(env), Start(env, founder), es)
    ensures var t := Apply(env, StaleReissue(env, founder), DAY, Shop(env, founder, env.pendingCap + 1)).0;
            Idle(Play(ServiceOf(env), Start(env, founder), es), t, DAY)
  {
    var svc, start, n := ServiceOf(env), Start(env, founder), env.pendingCap;
    var wait := UntilReissueWaits(env, founder);
    var last := OwnerInvitesNext(env, founder, Play(svc, start, wait), n, DAY - 1);
    PlayOn(svc, start, wait, last);
    var over := CompletesIdle(env, Play(svc, start, wait + last), n + 1, StaleReissue(env, founder),
                              Shop(env, founder, n + 1), DAY);
    PlayOn(svc, start, wait + last, over);
    es := wait + last + over;
  }

  /** Under the repository's cap of 100, ten minutes at least lie between one invitation and the next. */
  lemma InvitationsAreSpread(env: Env, i: nat, j: nat)
    requires i <= j <= env.pendingCap <= 100
    ensures InvitedAt(env, j) - InvitedAt(env, i) >= (j - i) * INTERVAL
  {
  }

  /**
   * Whatever the cap and whoever has accounts: an interleaved run of the real operations, on a clock
   * that never goes back, that ends with one live pending invitation more than the cap.
   */
  lemma StaleReissueInterleaved(env: Env, founder: UserId) returns (ss: seq<System>, es: seq<Event>)
    requires CanInvite(env, founder)
    ensures IsRun(ServiceOf(env), ss, es) && NeverGoesBack(ss) && AllNew(ss[0].db, map[0 := founder])
    ensures ss[0].db.Keys == {0} && 0 in Last(ss).db && Last(ss).clock == DAY
    ensures |Last(ss).db[0].LiveIds(Last(ss).clock)| == env.pendingCap + 1
  {
    es := UntilOver(env, founder);
    ss := States(ServiceOf(env), Start(env, founder), es);
    StatesAreRun(ServiceOf(env), Start(env, founder), es);
    StaleReissueRevives(env, founder, DAY);
    assert Shop(env, founder, 0).IsActiveOwner(founder);
  }

  /** As a history of whole operations: the cap fails, though every clock was read before its lock. */
  lemma StaleReissueBreaksCap(env: Env, founder: UserId) returns (h: History)
    requires CanInvite(env, founder)
    ensures HistoryFrom(env, founder, h) && ClockReadBeforeLock(h.reqs) && !CapAlong(env, h, 0)
  {
    var ss, es := StaleReissueInterleaved(env, founder);
    h := InterleavedHasHistory(env, ss, es, map[0 := founder], 0);
    LockOrderIsClockOrder(env, ss, es, 0);
    var n := |h.reqs|;
    assert forall r :: r in h.reqs ==> Reading(r) <= r.at by {
      assert forall r :: r in h.reqs ==> exists k :: 0 <= k < n && h.reqs[k] == r;
    }
    LatestIsPast(h.reqs, 0, DAY);
    assert h.reqs[..n] == h.reqs;
    assert !WithinCap(env, h.states[n], Latest(0, h.reqs[..n]));
  }
}
