/** The seven operations under the lock: what every interleaved run of them keeps. */
module OrgInterleaving {
  import opened OrgTables
  import opened OrgRuns
  import opened OrgHistory
  import opened OrgScripts
  import opened OrgLock

  function ServiceOf(env: Env): Service {
    Service((op, at, h) => Next(env, op, at, h),
            (op, at, t, h, ws) => RunFrom(env, op, at, t, h, ws),
            (op, at, t) => Apply(env, op, at, t))
  }

  lemma ServiceIsLawful(env: Env)
    ensures ServiceOf(env).Lawful()
  {
    var svc := ServiceOf(env);
    forall op, at, t
      ensures svc.rest(op, at, t, [], []) == svc.whole(op, at, t)
    {
      ScriptRuns(env, op, at, t);
    }
    forall op, at, at', h
      ensures svc.ReadsAlike(op, at, at', h)
    {
      ReadsIgnoreClock(env, op, at, at', h);
    }
    forall op, at, t, h, ws
      ensures svc.Follows(op, at, t, h, ws)
    {
      assert RunFrom(env, op, at, t, h, ws) ==
        match Next(env, op, at, h)
        case Read => RunFrom(env, op, at, t, h + [View(t, ws)], ws)
        case Write(w) => RunFrom(env, op, at, t, h + [View(t, ws + [w])], ws + [w])
        case Finish(commit, outcome) => (if commit then View(t, ws) else t, outcome);
    }
  }

  lemma {:induction false} AloneIsAfter(env: Env, t: Tables, reqs: seq<Request>)
    ensures RunAlone(ServiceOf(env), t, reqs) == After(env, t, reqs)
  {
    if reqs != [] {
      AloneIsAfter(env, t, Front(reqs));
    }
  }

  /**
   * Every interleaving of the seven operations commits, in each organization, the rows of running its
   * finished requests whole in lock order, and gives each finished transaction the result it would get there.
   */
  lemma InterleavedIsSequential(env: Env, ss: seq<System>, es: seq<Event>)
    requires IsRun(ServiceOf(env), ss, es)
    ensures var s, db := Last(ss), ss[0].db;
            && s.db.Keys == db.Keys
            && (forall o :: o in db ==> s.db[o] == After(env, db[o], Finished(s.txs, s.log, o)))
            && (forall id :: HasEnded(s.txs, id) ==> id in s.log)
            && (forall p :: 0 <= p < |s.log| && HasEnded(s.txs, s.log[p]) ==> ResultAsAlone(env, db, s, p))
  {
    var svc, s, db := ServiceOf(env), Last(ss), ss[0].db;
    ServiceIsLawful(env);
    Serializable(svc, ss, es);
    forall o | o in db
      ensures s.db[o] == After(env, db[o], Finished(s.txs, s.log, o))
    {
      AloneIsAfter(env, db[o], Finished(s.txs, s.log, o));
    }
    forall p | 0 <= p < |s.log| && HasEnded(s.txs, s.log[p])
      ensures ResultAsAlone(env, db, s, p)
    {
      assert ResultSequential(svc, db, s, p);
      var org := s.txs[s.log[p]].org;
      AloneIsAfter(env, db[org], Finished(s.txs, s.log[..p], org));
    }
  }

  /** The result at place `p` is that of `Apply` after the organization's earlier finished requests. */
  ghost predicate ResultAsAlone(env: Env, db: map<OrgId, Tables>, s: System, p: nat)
    requires p < |s.log| && HasEnded(s.txs, s.log[p])
  {
    var tx := s.txs[s.log[p]];
    && tx.org in db
    && tx.phase.outcome == Apply(env, tx.op, tx.phase.at, After(env, db[tx.org], Finished(s.txs, s.log[..p], tx.org))).1
  }

  /** A database of organizations as provisioning leaves them. */
  ghost predicate AllNew(db: map<OrgId, Tables>, founders: map<OrgId, nat>) {
    forall o :: o in db ==> o in founders && NewOrg(db[o], founders[o])
  }

  /** In every interleaved run every organization keeps an active Owner and its pending invitations in order. */
  lemma InterleavedKeepsInvariants(env: Env, ss: seq<System>, es: seq<Event>, founders: map<OrgId, nat>, k: nat,
      o: OrgId)
    requires IsRun(ServiceOf(env), ss, es) && k <= |es|
    requires AllNew(ss[0].db, founders) && o in ss[0].db
    ensures o in ss[k].db && ss[k].db[o].HasActiveOwner() && PendingDiscipline(env, ss[k].db[o])
  {
    InterleavedIsSequential(env, ss[..k + 1], es[..k]);
    var reqs := Finished(ss[k].txs, ss[k].log, o);
    OwnerAlways(env, ss[0].db[o], founders[o], reqs);
    PendingAlways(env, ss[0].db[o], founders[o], reqs);
  }

  /**
   * What an interleaved run leaves in an organization is the end of a history of whole operations,
   * so what is proved of every history holds of every interleaved run.
   */
  lemma InterleavedHasHistory(env: Env, ss: seq<System>, es: seq<Event>, founders: map<OrgId, nat>, o: OrgId)
    returns (h: History)
    requires IsRun(ServiceOf(env), ss, es) && AllNew(ss[0].db, founders) && o in ss[0].db
    ensures HistoryFrom(env, founders[o], h)
    ensures h.reqs == Finished(Last(ss).txs, Last(ss).log, o)
    ensures h.states[0] == ss[0].db[o] && o in Last(ss).db && Last(h.states) == Last(ss).db[o]
  {
    InterleavedIsSequential(env, ss, es);
    var reqs := Finished(Last(ss).txs, Last(ss).log, o);
    h := HistoryExists(env, ss[0].db[o], reqs);
    assert reqs[..|reqs|] == reqs;
  }
}
