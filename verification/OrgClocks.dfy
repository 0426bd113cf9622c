/** What a system clock that never goes back says about the clocks of the requests. */
module OrgClocks {
  import opened OrgTables
  import opened OrgRuns
  import opened OrgCap
  import opened OrgLock
  import opened OrgInterleaving

  predicate NeverGoesBack(ss: seq<System>) {
    forall k :: 0 < k < |ss| ==> ss[k - 1].clock <= ss[k].clock
  }

  /** The clock of a transaction is fixed by its first write, or by its end. */
  predicate HasClock(tx: Transaction) {
    (tx.phase.Running? && tx.phase.writes != []) || tx.phase.Ended?
  }

  /** A transaction carries no clock later than the one it writes with, or than the present. */
  predicate InTime(tx: Transaction, clock: int) {
    && (tx.phase.Waiting? || tx.phase.Running? ==> Reading(Request(tx.op, clock)) <= clock)
    && (HasClock(tx) ==> Reading(Request(tx.op, tx.phase.at)) <= tx.phase.at <= clock)
  }

  predicate WroteEarlier(txs: map<TxId, Transaction>, a: TxId, b: TxId) {
    a in txs && b in txs && txs[a].org == txs[b].org && HasClock(txs[a]) && HasClock(txs[b]) ==>
      txs[a].phase.at <= txs[b].phase.at
  }

  ghost predicate Clocked(s: System) {
    && (forall id :: id in s.txs ==> InTime(s.txs[id], s.clock))
    && (forall i, j :: 0 <= i < j < |s.log| ==> WroteEarlier(s.txs, s.log[i], s.log[j]))
  }

  lemma StepKeepsInTime(svc: Service, s: System, e: Event, id: TxId)
    requires Enabled(svc, s, e) && s.clock <= Do(svc, s, e).clock
    requires id in s.txs ==> InTime(s.txs[id], s.clock)
    ensures id in Do(svc, s, e).txs ==> InTime(Do(svc, s, e).txs[id], Do(svc, s, e).clock)
  {
  }

  /** A transaction gets its clock while nobody has taken its organization's lock after it. */
  lemma StepKeepsOrder(svc: Service, s: System, e: Event, i: nat, j: nat)
    requires LogInOrder(s) && Enabled(svc, s, e) && i < j < |Do(svc, s, e).log|
    requires s.log[i] in s.txs && InTime(s.txs[s.log[i]], s.clock)
    requires IsRunning(s, s.log[i]) ==> LatestOfItsOrg(s, s.log[i])
    requires j < |s.log| ==> WroteEarlier(s.txs, s.log[i], s.log[j])
    ensures WroteEarlier(Do(svc, s, e).txs, Do(svc, s, e).log[i], Do(svc, s, e).log[j])
  {
  }

  lemma StepKeepsClocked(svc: Service, s: System, e: Event)
    requires Locked(svc, s) && Clocked(s) && Enabled(svc, s, e) && s.clock <= Do(svc, s, e).clock
    ensures Clocked(Do(svc, s, e))
  {
    var s' := Do(svc, s, e);
    forall id | id in s'.txs ensures InTime(s'.txs[id], s'.clock) {
      StepKeepsInTime(svc, s, e, id);
    }
    forall i, j | 0 <= i < j < |s'.log|
      ensures WroteEarlier(s'.txs, s'.log[i], s'.log[j])
    {
      assert s.log[i] in s.log;
      assert IsRunning(s, s.log[i]) ==> OnCourse(svc, s, s.log[i]);
      assert j < |s.log| ==> WroteEarlier(s.txs, s.log[i], s.log[j]);
      StepKeepsOrder(svc, s, e, i, j);
    }
  }

  lemma {:induction false} RunIsClocked(env: Env, ss: seq<System>, es: seq<Event>, k: nat)
    requires IsRun(ServiceOf(env), ss, es) && NeverGoesBack(ss) && k <= |es|
    ensures Clocked(ss[k])
  {
    if k > 0 {
      RunIsClocked(env, ss, es, k - 1);
      ServiceIsLawful(env);
      RunKeepsInv(ServiceOf(env), ss, es, k - 1);
      StepKeepsClocked(ServiceOf(env), ss[k - 1], es[k - 1]);
    }
  }

  lemma {:induction false} FinishedInOrder(s: System, n: nat, org: OrgId)
    requires Clocked(s) && n <= |s.log|
    ensures ClockReadBeforeLock(Finished(s.txs, s.log[..n], org))
    ensures forall r :: r in Finished(s.txs, s.log[..n], org) ==>
              exists p :: 0 <= p < n && EndedOn(s.txs, s.log[p], org) && r == RequestOf(s.txs[s.log[p]])
  {
    if n > 0 {
      FinishedInOrder(s, n - 1, org);
      assert Front(s.log[..n]) == s.log[..n - 1];
      var before, last := Finished(s.txs, s.log[..n - 1], org), s.log[n - 1];
      if EndedOn(s.txs, last, org) {
        assert InTime(s.txs[last], s.clock);
        forall r | r in before
          ensures r.at <= s.txs[last].phase.at
        {
          var p :| 0 <= p < n - 1 && EndedOn(s.txs, s.log[p], org) && r == RequestOf(s.txs[s.log[p]]);
          assert WroteEarlier(s.txs, s.log[p], last);
        }
      }
    }
  }

  /**
   * Under a clock that never goes back, requests write in clock order, though their carried clocks need not be
   * in order.
   */
  lemma LockOrderIsClockOrder(env: Env, ss: seq<System>, es: seq<Event>, o: OrgId)
    requires IsRun(ServiceOf(env), ss, es) && NeverGoesBack(ss)
    ensures var reqs := Finished(Last(ss).txs, Last(ss).log, o);
            && ClockReadBeforeLock(reqs)
            && forall r :: r in reqs ==> r.at <= Last(ss).clock
  {
    var s := Last(ss);
    RunIsClocked(env, ss, es, |es|);
    FinishedInOrder(s, |s.log|, o);
    assert s.log[..|s.log|] == s.log;
    forall r | r in Finished(s.txs, s.log, o)
      ensures r.at <= s.clock
    {
      var p :| 0 <= p < |s.log| && EndedOn(s.txs, s.log[p], o) && r == RequestOf(s.txs[s.log[p]]);
      assert InTime(s.txs[s.log[p]], s.clock);
    }
  }
}
